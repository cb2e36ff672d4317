/**
 * The record-selection input built from an OpenQuake disaggregation in
 * scripts/process_disagg_approx_dstore.py: one rupture list and one conditioning
 * intensity per probability of exceedance (POE), the most contributing ruptures, and the
 * datastore's required parameters of the closest context row merged into each rupture.
 */
module DisaggApproxDstore {
  import opened Outcomes
  import opened Dicts
  import opened Values
  import opened Ranking

  /** A JSON object: one rupture, one `im-star`, one row of required parameters. */
  type Record = Dict<string, Value>

  /**
   * One POE's magnitude-distance disaggregation as parallel arrays: magnitudes, distances
   * and, per scenario, the hazard contribution used as its weight.
   */
  datatype Disagg = Disagg(mag: seq<Value>, dist: seq<Value>, weights: seq<real>)

  /** The rupture with position `i` in the disaggregation arrays. */
  function RuptureRecord(i: int, rjb: Value, mag: Value, w: real): (r: Record) {
    [("ID", VInt(i)), ("gmms", VList([VInt(0)])), ("rjb", rjb), ("mag", mag),
     ("rake", VFloat(0.0)), ("weight", VFloat(w))]
  }

  /** The fields of a rupture record, looked up as a dictionary. */
  lemma RuptureRecordFields(i: int, rjb: Value, mag: Value, w: real)
    ensures var r := RuptureRecord(i, rjb, mag, w);
            DistinctKeys(r)
    ensures var r := RuptureRecord(i, rjb, mag, w);
            Get(r, "ID") == Some(VInt(i)) && Get(r, "gmms") == Some(VList([VInt(0)])) &&
            Get(r, "rjb") == Some(rjb) && Get(r, "mag") == Some(mag) &&
            Get(r, "rake") == Some(VFloat(0.0)) && Get(r, "weight") == Some(VFloat(w))
  {
    var r := RuptureRecord(i, rjb, mag, w);
    GetAt(r, 0);
    GetAt(r, 1);
    GetAt(r, 2);
    GetAt(r, 3);
    GetAt(r, 4);
    GetAt(r, 5);
  }

  /** Every magnitude has a distance and a weight. */
  predicate Aligned(d: Disagg) {
    |d.mag| <= |d.dist| && |d.mag| <= |d.weights|
  }

  /**
   * The rupture list of one POE: rupture `i` is built from position `i` of every array,
   * for every magnitude; a distance or weight array shorter than the magnitudes raises
   * `IndexError`.
   */
  function Ruptures(d: Disagg): (r: Result<seq<Record>>) {
    if !Aligned(d) then Err(IndexError)
    else Ok(seq(|d.mag|, i requires 0 <= i < |d.mag| => RuptureRecord(i, d.dist[i], d.mag[i], d.weights[i])))
  }

  /** The inner loop appending one rupture per magnitude. */
  method BuildRuptures(d: Disagg) returns (r: Result<seq<Record>>)
    ensures r == Ruptures(d)
  {
    var ruptures: seq<Record> := [];
    for i := 0 to |d.mag|
      invariant i <= |d.dist| && i <= |d.weights|
      invariant |ruptures| == i
      invariant forall j :: 0 <= j < i ==> ruptures[j] == RuptureRecord(j, d.dist[j], d.mag[j], d.weights[j])
    {
      if i >= |d.dist| || i >= |d.weights| {
        return Err(IndexError);
      }
      ruptures := ruptures + [RuptureRecord(i, d.dist[i], d.mag[i], d.weights[i])];
    }
    assert ruptures == seq(|d.mag|, i requires 0 <= i < |d.mag| => RuptureRecord(i, d.dist[i], d.mag[i], d.weights[i]));
    return Ok(ruptures);
  }

  /** A built rupture list has one rupture per magnitude, with `ID` its position. */
  lemma RupturesFields(d: Disagg, i: nat)
    requires Ruptures(d).Ok? && i < |d.mag|
    ensures var rs := Ruptures(d).value;
            |rs| == |d.mag| && Get(rs[i], "ID") == Some(VInt(i)) &&
            Get(rs[i], "gmms") == Some(VList([VInt(0)])) && Get(rs[i], "rake") == Some(VFloat(0.0)) &&
            Get(rs[i], "rjb") == Some(d.dist[i]) && Get(rs[i], "mag") == Some(d.mag[i]) &&
            Get(rs[i], "weight") == Some(VFloat(d.weights[i]))
  {
    RuptureRecordFields(i, d.dist[i], d.mag[i], d.weights[i]);
  }

  /** Ruptures are built exactly when no array is shorter than the magnitudes. */
  lemma RupturesOk(d: Disagg)
    ensures Ruptures(d).Ok? <==> |d.dist| >= |d.mag| && |d.weights| >= |d.mag|
    ensures Ruptures(d).Err? ==> Ruptures(d).error == IndexError
  {
  }

  /** The conditioning intensity of one POE: `{"type": imt, "value": iml}`. */
  function ImStar(imt: string, iml: Value): (r: Record) {
    [("type", VStr(imt)), ("value", iml)]
  }

  /** What the script stores per POE under `rs_input["poes"][poe]`. */
  datatype PoeInput = PoeInput(ruptures: seq<Record>, imStar: Record)

  /**
   * The entries the first loop stores, one per POE in order, or the first error: a POE
   * without a disaggregation (`KeyError`), a short array, or no intensity level at the
   * POE's position (`IndexError`).
   */
  function PoeEntries(poes: seq<real>, disaggs: Dict<real, Disagg>, imt: string, imls: seq<Value>)
    : (r: Result<seq<(real, PoeInput)>>)
    decreases |poes|
  {
    if poes == [] then Ok([])
    else
      var idx := |poes| - 1;
      var prev := PoeEntries(poes[..idx], disaggs, imt, imls);
      var d := Get(disaggs, poes[idx]);
      if prev.Err? then prev
      else if d.None? then Err(KeyError)
      else
        var rs := Ruptures(d.value);
        if rs.Err? then Err(rs.error)
        else if idx >= |imls| then Err(IndexError)
        else Ok(prev.value + [(poes[idx], PoeInput(rs.value, ImStar(imt, imls[idx])))])
  }

  /** `rs_input["poes"]` after the first loop: the entries, a later POE replacing an equal earlier one. */
  function PoeInputs(poes: seq<real>, disaggs: Dict<real, Disagg>, imt: string, imls: seq<Value>)
    : (r: Result<Dict<real, PoeInput>>)
  {
    var e := PoeEntries(poes, disaggs, imt, imls);
    if e.Err? then Err(e.error) else Ok(FromPairs(e.value))
  }

  /** The loop over the POEs with their positions, filling `rs_input["poes"]`. */
  method BuildPoeInputs(poes: seq<real>, disaggs: Dict<real, Disagg>, imt: string, imls: seq<Value>)
    returns (r: Result<Dict<real, PoeInput>>)
    ensures r == PoeInputs(poes, disaggs, imt, imls)
  {
    var inputs: Dict<real, PoeInput> := [];
    for idx := 0 to |poes|
      invariant PoeEntries(poes[..idx], disaggs, imt, imls).Ok?
      invariant inputs == FromPairs(PoeEntries(poes[..idx], disaggs, imt, imls).value)
    {
      assert poes[..idx + 1][..idx] == poes[..idx];
      var d := Get(disaggs, poes[idx]);
      if d.None? {
        PoeEntriesPrefixErr(poes, disaggs, imt, imls, idx + 1);
        return Err(KeyError);
      }
      var ruptures := BuildRuptures(d.value);
      if ruptures.Err? {
        PoeEntriesPrefixErr(poes, disaggs, imt, imls, idx + 1);
        return Err(ruptures.error);
      }
      if idx >= |imls| {
        PoeEntriesPrefixErr(poes, disaggs, imt, imls, idx + 1);
        return Err(IndexError);
      }
      var entry := PoeInput(ruptures.value, ImStar(imt, imls[idx]));
      FromPairsSnoc(PoeEntries(poes[..idx], disaggs, imt, imls).value, poes[idx], entry);
      inputs := Put(inputs, poes[idx], entry);
    }
    assert poes[..|poes|] == poes;
    r := Ok(inputs);
  }

  /** An error on a prefix of the POEs is the error of the whole loop. */
  lemma {:induction false} PoeEntriesPrefixErr(poes: seq<real>, disaggs: Dict<real, Disagg>, imt: string,
                                               imls: seq<Value>, n: nat)
    requires n <= |poes| && PoeEntries(poes[..n], disaggs, imt, imls).Err?
    ensures PoeEntries(poes, disaggs, imt, imls) == PoeEntries(poes[..n], disaggs, imt, imls)
    decreases |poes| - n
  {
    if n < |poes| {
      var m := |poes| - 1;
      assert poes[..m][..n] == poes[..n];
      PoeEntriesPrefixErr(poes[..m], disaggs, imt, imls, n);
    } else {
      assert poes[..n] == poes;
    }
  }

  /** The input stored for one POE whose ruptures could be built. */
  function PoeEntry(d: Disagg, imt: string, iml: Value): (r: PoeInput)
    requires Ruptures(d).Ok?
  {
    PoeInput(Ruptures(d).value, ImStar(imt, iml))
  }

  /** The POE at position `idx` has a disaggregation, buildable ruptures and an intensity level. */
  predicate PoeBuildable(poes: seq<real>, disaggs: Dict<real, Disagg>, imls: seq<Value>, idx: nat)
    requires idx < |poes|
  {
    var d := Get(disaggs, poes[idx]);
    d.Some? && Aligned(d.value) && idx < |imls|
  }

  /**
   * The first loop succeeds exactly when every POE is buildable, and then stores, in
   * order, each POE with its ruptures and `{"type": imt, "value": imls[idx]}`.
   */
  lemma {:induction false} PoeEntriesOk(poes: seq<real>, disaggs: Dict<real, Disagg>, imt: string, imls: seq<Value>)
    ensures var e := PoeEntries(poes, disaggs, imt, imls);
            e.Ok? <==> forall idx :: 0 <= idx < |poes| ==> PoeBuildable(poes, disaggs, imls, idx)
    ensures var e := PoeEntries(poes, disaggs, imt, imls);
            e.Ok? ==> |e.value| == |poes| &&
                      forall idx :: 0 <= idx < |poes| ==>
                        PoeBuildable(poes, disaggs, imls, idx) &&
                        e.value[idx] == (poes[idx], PoeEntry(Get(disaggs, poes[idx]).value, imt, imls[idx]))
    decreases |poes|
  {
    if poes != [] {
      var m := |poes| - 1;
      var init := poes[..m];
      PoeEntriesOk(init, disaggs, imt, imls);
      forall idx | 0 <= idx < m
        ensures PoeBuildable(init, disaggs, imls, idx) == PoeBuildable(poes, disaggs, imls, idx)
      {
        assert init[idx] == poes[idx];
      }
      var e := PoeEntries(poes, disaggs, imt, imls);
      var prev := PoeEntries(init, disaggs, imt, imls);
      if prev.Ok? && PoeBuildable(poes, disaggs, imls, m) {
        var entry := PoeEntry(Get(disaggs, poes[m]).value, imt, imls[m]);
        assert e.value == prev.value + [(poes[m], entry)];
        forall idx | 0 <= idx < |poes|
          ensures e.value[idx] == (poes[idx], PoeEntry(Get(disaggs, poes[idx]).value, imt, imls[idx]))
        {
          if idx < m {
            assert e.value[idx] == prev.value[idx];
          }
        }
      }
    }
  }

  /**
   * A POE that does not occur again later maps to its own entry in `rs_input["poes"]`,
   * and the keys of `rs_input["poes"]` are exactly the POEs.
   */
  lemma PoeInputsAt(poes: seq<real>, disaggs: Dict<real, Disagg>, imt: string, imls: seq<Value>, idx: nat)
    requires PoeInputs(poes, disaggs, imt, imls).Ok?
    requires idx < |poes| && forall j :: idx < j < |poes| ==> poes[j] != poes[idx]
    ensures PoeBuildable(poes, disaggs, imls, idx)
    ensures var r := PoeInputs(poes, disaggs, imt, imls).value;
            Get(r, poes[idx]) == Some(PoeEntry(Get(disaggs, poes[idx]).value, imt, imls[idx]))
  {
    PoeEntriesOk(poes, disaggs, imt, imls);
    var e := PoeEntries(poes, disaggs, imt, imls).value;
    FromPairsLastWins(e, idx);
  }

  /** The keys of `rs_input["poes"]` are the POEs. */
  lemma PoeInputsKeys(poes: seq<real>, disaggs: Dict<real, Disagg>, imt: string, imls: seq<Value>, p: real)
    requires PoeInputs(poes, disaggs, imt, imls).Ok?
    ensures HasKey(PoeInputs(poes, disaggs, imt, imls).value, p) <==> p in poes
  {
    PoeEntriesOk(poes, disaggs, imt, imls);
    var e := PoeEntries(poes, disaggs, imt, imls).value;
    FromPairsHasKey(e, p);
    if p in poes {
      var idx :| 0 <= idx < |poes| && poes[idx] == p;
      assert e[idx].0 == p;
    }
  }

  /**
   * `[1 / len(imi)] * len(imi)`: equal weights for the intensity measures of interest,
   * or `ZeroDivisionError` for none.
   */
  function ImWeights(imi: seq<string>): (r: Result<seq<real>>) {
    if |imi| == 0 then Err(ZeroDivisionError)
    else Ok(seq(|imi|, _ => 1.0 / (|imi| as real)))
  }

  function Sum(xs: seq<real>): (r: real) {
    if xs == [] then 0.0 else xs[0] + Sum(xs[1..])
  }

  /** `n` copies of `x` add up to `n * x`. */
  lemma {:induction false} SumConstant(xs: seq<real>, x: real)
    requires forall i :: 0 <= i < |xs| ==> xs[i] == x
    ensures Sum(xs) == (|xs| as real) * x
  {
    if xs != [] {
      SumConstant(xs[1..], x);
    }
  }

  /** One weight per intensity measure, all equal, adding up to one. */
  lemma ImWeightsSum(imi: seq<string>)
    requires imi != []
    ensures var w := ImWeights(imi);
            w.Ok? && |w.value| == |imi| && Sum(w.value) == 1.0 &&
            forall i, j :: 0 <= i < |imi| && 0 <= j < |imi| ==> w.value[i] == w.value[j]
  {
    var w := ImWeights(imi).value;
    SumConstant(w, 1.0 / (|imi| as real));
  }

  /** The nineteen spectral accelerations the script sets as `rs_input["imi"]`. */
  const Imi: seq<string> := [
    "SA(0.05)", "SA(0.075)", "SA(0.1)", "SA(0.15)", "SA(0.2)",
    "SA(0.25)", "SA(0.3)", "SA(0.4)", "SA(0.5)", "SA(0.6)",
    "SA(0.7)", "SA(0.8)", "SA(0.9)", "SA(1.0)", "SA(1.25)",
    "SA(1.5)", "SA(2.0)", "SA(2.5)", "SA(3.0)"]

  /** With those nineteen, every weight is 1/19. */
  lemma ImiWeights()
    ensures ImWeights(Imi).Ok? && |ImWeights(Imi).value| == 19
    ensures forall i :: 0 <= i < 19 ==> ImWeights(Imi).value[i] == 1.0 / 19.0
  {
  }

  // ---------------------------------------------------------------------------
  // Loops that rewrite rs_input["poes"][poe] for each POE in turn
  // ---------------------------------------------------------------------------

  /** No element occurs twice. */
  predicate Distinct<T(==)>(s: seq<T>) {
    forall i, j :: 0 <= i < j < |s| ==> s[i] != s[j]
  }

  /**
   * `for poe in poes: inputs[poe] = f(inputs[poe])`, ending at the first error: a POE that
   * is not a key (`KeyError`) or an error of `f`.
   */
  function UpdateEach(inputs: Dict<real, PoeInput>, poes: seq<real>, f: PoeInput -> Result<PoeInput>)
    : (r: Result<Dict<real, PoeInput>>)
    decreases |poes|
  {
    if poes == [] then Ok(inputs)
    else
      var next := UpdateOne(inputs, poes[0], f);
      if next.Err? then next else UpdateEach(next.value, poes[1..], f)
  }

  /** `inputs[poe] = f(inputs[poe])`. */
  function UpdateOne(inputs: Dict<real, PoeInput>, poe: real, f: PoeInput -> Result<PoeInput>)
    : (r: Result<Dict<real, PoeInput>>)
  {
    var p := Get(inputs, poe);
    if p.None? then Err(KeyError)
    else
      var q := f(p.value);
      if q.Err? then Err(q.error) else Ok(Put(inputs, poe, q.value))
  }

  /** The keys stay the same, in the same order. */
  lemma {:induction false} UpdateEachKeys(inputs: Dict<real, PoeInput>, poes: seq<real>, f: PoeInput -> Result<PoeInput>)
    ensures var r := UpdateEach(inputs, poes, f);
            r.Ok? ==> Keys(r.value) == Keys(inputs)
    decreases |poes|
  {
    if poes != [] {
      var next := UpdateOne(inputs, poes[0], f);
      if next.Ok? {
        HasKeyIn(inputs, poes[0]);
        UpdateEachKeys(next.value, poes[1..], f);
      }
    }
  }

  /**
   * With distinct POEs, each POE's entry is `f` of its original entry and every other key
   * keeps its entry.
   */
  lemma {:induction false} UpdateEachGet(inputs: Dict<real, PoeInput>, poes: seq<real>,
                                         f: PoeInput -> Result<PoeInput>, k: real)
    requires Distinct(poes)
    ensures var r := UpdateEach(inputs, poes, f);
            r.Ok? ==> if k in poes then HasKey(inputs, k) && f(Get(inputs, k).value).Ok? &&
                                        Get(r.value, k) == Some(f(Get(inputs, k).value).value)
                      else Get(r.value, k) == Get(inputs, k)
    decreases |poes|
  {
    if poes != [] {
      var next := UpdateOne(inputs, poes[0], f);
      if next.Ok? {
        var tail := poes[1..];
        assert Distinct(tail);
        assert poes[0] !in tail by {
          forall j | 0 <= j < |tail| ensures tail[j] != poes[0] {
            assert tail[j] == poes[j + 1];
          }
        }
        assert k in poes <==> k == poes[0] || k in tail;
        var q := f(Get(inputs, poes[0]).value).value;
        PutGet(inputs, poes[0], q, k);
        UpdateEachGet(next.value, tail, f, k);
        if k == poes[0] {
          UpdateEachGet(next.value, tail, f, k);
        }
      }
    }
  }

  /** `k` is a key whose entry `f` accepts. */
  predicate Updatable(inputs: Dict<real, PoeInput>, f: PoeInput -> Result<PoeInput>, k: real) {
    HasKey(inputs, k) && f(Get(inputs, k).value).Ok?
  }

  /** With distinct POEs, the loop succeeds exactly when every POE is a key that `f` accepts. */
  lemma {:induction false} UpdateEachOk(inputs: Dict<real, PoeInput>, poes: seq<real>, f: PoeInput -> Result<PoeInput>)
    requires Distinct(poes)
    ensures UpdateEach(inputs, poes, f).Ok? <==> forall i :: 0 <= i < |poes| ==> Updatable(inputs, f, poes[i])
    decreases |poes|
  {
    if poes != [] {
      var tail := poes[1..];
      assert Distinct(tail);
      var all := forall i :: 0 <= i < |poes| ==> Updatable(inputs, f, poes[i]);
      var next := UpdateOne(inputs, poes[0], f);
      if next.Ok? {
        forall j | 0 <= j < |tail| ensures tail[j] != poes[0] && tail[j] == poes[j + 1] {
        }
        UpdateEachOk(next.value, tail, f);
        forall j | 0 <= j < |tail|
          ensures Updatable(next.value, f, tail[j]) == Updatable(inputs, f, tail[j])
        {
          PutGet(inputs, poes[0], f(Get(inputs, poes[0]).value).value, tail[j]);
        }
        assert all <==> forall j :: 0 <= j < |tail| ==> Updatable(inputs, f, tail[j]) by {
          forall i | 0 < i < |poes| ensures poes[i] == tail[i - 1] { }
        }
      } else {
        assert !Updatable(inputs, f, poes[0]);
      }
    }
  }

  // ---------------------------------------------------------------------------
  // Selecting the most contributing ruptures
  // ---------------------------------------------------------------------------

  /**
   * `x['weight']` as the selection compares it. Every rupture the script builds holds a
   * float there (`RuptureWeight`); other records are not compared by the model's callers.
   */
  function Weight(r: Record): (w: real) {
    var w: Option<Value> := Get(r, "weight");
    match w
    case Some(VFloat(x)) => x
    case Some(VInt(i)) => i as real
    case _ => 0.0
  }

  /** A built rupture is weighed by its disaggregation weight. */
  lemma RuptureWeight(i: int, rjb: Value, mag: Value, w: real)
    ensures Weight(RuptureRecord(i, rjb, mag, w)) == w
  {
    RuptureRecordFields(i, rjb, mag, w);
  }

  /** `heapq.nlargest(n, ruptures, key=lambda x: x['weight'])` on one POE's entry. */
  function SelectStep(n: int): (r: PoeInput -> Result<PoeInput>) {
    (p: PoeInput) => Ok(p.(ruptures := TopN(n, p.ruptures, Weight)))
  }

  /** The loop keeping the `n` most contributing ruptures of each POE; `n = None` keeps all. */
  method SelectMostContributing(inputs: Dict<real, PoeInput>, poes: seq<real>, n: Option<int>)
    returns (r: Result<Dict<real, PoeInput>>)
    ensures r == if n.None? then Ok(inputs) else UpdateEach(inputs, poes, SelectStep(n.value))
  {
    if n.None? {
      return Ok(inputs);
    }
    var current := inputs;
    for k := 0 to |poes|
      invariant UpdateEach(current, poes[k..], SelectStep(n.value)) == UpdateEach(inputs, poes, SelectStep(n.value))
    {
      assert poes[k..][1..] == poes[k + 1..];
      var p := Get(current, poes[k]);
      if p.None? {
        return Err(KeyError);
      }
      var ruptures := TopN(n.value, p.value.ruptures, Weight);
      current := Put(current, poes[k], p.value.(ruptures := ruptures));
    }
    return Ok(current);
  }

  /**
   * What the selection keeps of one rupture list: `min(n, len)` ruptures (none for
   * `n <= 0`), all from the list, heaviest first, none lighter than any rupture left out,
   * and together with those left out exactly the original list.
   */
  lemma SelectedRuptures(n: int, rs: seq<Record>)
    ensures var top := TopN(n, rs, Weight);
            |top| == (if n <= 0 then 0 else Min(n, |rs|)) &&
            (forall x :: x in top ==> x in rs) && NonIncreasing(top, Weight)
    ensures var top, rest := TopN(n, rs, Weight), Remaining(n, rs, Weight);
            multiset(top) + multiset(rest) == multiset(rs) &&
            forall i, j :: 0 <= i < |top| && 0 <= j < |rest| ==> Weight(top[i]) >= Weight(rest[j])
  {
    TopNFrom(n, rs, Weight);
    TopNOrdered(n, rs, Weight);
    TopNPartition(n, rs, Weight);
    TopNDominates(n, rs, Weight);
  }

  /** With distinct POEs the selection succeeds on the first loop's result and keeps its imt entries. */
  lemma SelectionOfEntry(inputs: Dict<real, PoeInput>, poes: seq<real>, n: int, k: real)
    requires Distinct(poes)
    requires forall i :: 0 <= i < |poes| ==> HasKey(inputs, poes[i])
    ensures var r := UpdateEach(inputs, poes, SelectStep(n));
            r.Ok? && Keys(r.value) == Keys(inputs) &&
            Get(r.value, k) == if k in poes
                               then Some(Get(inputs, k).value.(ruptures := TopN(n, Get(inputs, k).value.ruptures, Weight)))
                               else Get(inputs, k)
  {
    UpdateEachOk(inputs, poes, SelectStep(n));
    assert forall i :: 0 <= i < |poes| ==> Updatable(inputs, SelectStep(n), poes[i]);
    UpdateEachKeys(inputs, poes, SelectStep(n));
    UpdateEachGet(inputs, poes, SelectStep(n), k);
  }

  // ---------------------------------------------------------------------------
  // Matching the ruptures to the datastore's contexts
  // ---------------------------------------------------------------------------

  /**
   * The record array of all context rows, by field: every field names a column with one
   * entry per row. A missing field raises `ValueError`, as numpy does.
   */
  type Table = Dict<string, seq<Value>>

  /**
   * `d = {}; for name in names: d[name] = lookup(name)`, continued from `acc`, ending at
   * the first lookup that raises.
   */
  function Gather(acc: Record, names: seq<string>, lookup: string -> Result<Value>): (r: Result<Record>)
    decreases |names|
  {
    if names == [] then Ok(acc)
    else
      var v := lookup(names[0]);
      if v.Err? then Err(v.error) else Gather(Put(acc, names[0], v.value), names[1..], lookup)
  }

  /**
   * The gathered dictionary maps each name to its looked-up value and keeps every other
   * key of `acc`; it exists exactly when no lookup raises.
   */
  lemma {:induction false} GatherGet(acc: Record, names: seq<string>, lookup: string -> Result<Value>, k: string)
    ensures var r := Gather(acc, names, lookup);
            r.Ok? <==> forall i :: 0 <= i < |names| ==> lookup(names[i]).Ok?
    ensures var r := Gather(acc, names, lookup);
            r.Ok? ==> Get(r.value, k) == if k in names then Some(lookup(k).value) else Get(acc, k)
    ensures DistinctKeys(acc) && Gather(acc, names, lookup).Ok? ==> DistinctKeys(Gather(acc, names, lookup).value)
    decreases |names|
  {
    if names != [] {
      var tail := names[1..];
      forall i | 0 <= i < |tail| ensures tail[i] == names[i + 1] { }
      var v := lookup(names[0]);
      if v.Ok? {
        var next := Put(acc, names[0], v.value);
        GatherGet(next, tail, lookup, k);
        PutGet(acc, names[0], v.value, k);
        assert k in names <==> k == names[0] || k in tail;
        if k == names[0] && k in tail {
          assert lookup(k).Ok? by {
            var j :| 0 <= j < |tail| && tail[j] == k;
          }
        }
      }
    }
  }

  /** The column of `name`, or the `ValueError` of a missing field. */
  function Column(t: Table, name: string): (r: Result<seq<Value>>) {
    var c := Get(t, name);
    if c.None? then Err(ValueError) else Ok(c.value)
  }

  /** `params[name][0]`: the first row's value of a field. */
  function SiteValue(t: Table): (r: string -> Result<Value>) {
    (name: string) =>
      var c := Column(t, name);
      if c.Err? then Err(c.error) else if c.value == [] then Err(IndexError) else Ok(c.value[0])
  }

  /** The loop filling `site_params` from the first context row. */
  method SiteParameters(t: Table, names: seq<string>) returns (r: Result<Record>)
    ensures r == Gather([], names, SiteValue(t))
  {
    var siteParams: Record := [];
    for k := 0 to |names|
      invariant Gather(siteParams, names[k..], SiteValue(t)) == Gather([], names, SiteValue(t))
    {
      assert names[k..][1..] == names[k + 1..];
      var column := Get(t, names[k]);
      if column.None? {
        return Err(ValueError);
      }
      if column.value == [] {
        return Err(IndexError);
      }
      siteParams := Put(siteParams, names[k], column.value[0]);
    }
    return Ok(siteParams);
  }

  /**
   * With the site parameters gathered, each named parameter holds the first row's value
   * of its field, and nothing else is there; they are gathered exactly when every field
   * exists and there is a row.
   */
  lemma SiteParametersGet(t: Table, names: seq<string>, k: string)
    ensures var r := Gather([], names, SiteValue(t));
            r.Ok? <==> forall i :: 0 <= i < |names| ==> HasKey(t, names[i]) && Get(t, names[i]).value != []
    ensures var r := Gather([], names, SiteValue(t));
            r.Ok? ==> Get(r.value, k) == if k in names then Some(Get(t, k).value[0]) else None
  {
    GatherGet([], names, SiteValue(t), k);
    forall i | 0 <= i < |names|
      ensures SiteValue(t)(names[i]).Ok? <==> HasKey(t, names[i]) && Get(t, names[i]).value != []
    {
    }
  }

  /** `{**a, **b}`: the keys of `a` and then the new keys of `b`, a value of `b` winning. */
  function Merge(a: Record, b: Record): (r: Record) {
    FromPairs(a + b)
  }

  /** A key of `b` maps to its value in `b`; any other key keeps its value in `a`. */
  lemma MergeGet(a: Record, b: Record, k: string)
    requires DistinctKeys(a) && DistinctKeys(b)
    ensures Get(Merge(a, b), k) == if HasKey(b, k) then Get(b, k) else Get(a, k)
  {
    var ps := a + b;
    if HasKey(b, k) {
      var j := IndexOf(b, k);
      assert ps[|a| + j] == b[j];
      FromPairsLastWins(ps, |a| + j);
    } else if HasKey(a, k) {
      var j := IndexOf(a, k);
      assert ps[j] == a[j];
      forall m | j < m < |ps| ensures ps[m].0 != k {
        if m < |a| {
          assert ps[m] == a[m];
        } else {
          assert ps[m] == b[m - |a|];
        }
      }
      FromPairsLastWins(ps, j);
    } else {
      FromPairsHasKey(ps, k);
      forall m | 0 <= m < |ps| ensures ps[m].0 != k {
        if m < |a| {
          assert ps[m] == a[m];
        } else {
          assert ps[m] == b[m - |a|];
        }
      }
    }
  }

  /**
   * The normalised Euclidean distance of every context row to a target: it receives the
   * magnitude and distance columns and the target's magnitude and distance.
   */
  type Distance = (seq<Value>, seq<Value>, Value, Value) -> seq<real>

  /**
   * `np.argmin(distances)` for one rupture: the first row at the smallest distance. A
   * rupture without `mag` or `rjb` raises `KeyError`; a missing or empty column, or no
   * distance at all, raises `ValueError`; a position past the rows raises `IndexError`.
   */
  function Closest(rup: Record, t: Table, distance: Distance): (r: Result<nat>)
    ensures !HasKey(rup, "mag") || !HasKey(rup, "rjb") ==> r == Err(KeyError)
    ensures HasKey(rup, "mag") && HasKey(rup, "rjb") && (!HasKey(t, "mag") || !HasKey(t, "rjb")) ==> r == Err(ValueError)
    ensures r.Ok? ==> HasKey(t, "mag") && HasKey(t, "rjb") && HasKey(rup, "mag") && HasKey(rup, "rjb")
    ensures r.Ok? ==> var ds := distance(Get(t, "mag").value, Get(t, "rjb").value,
                                          Get(rup, "mag").value, Get(rup, "rjb").value);
                      r.value < |ds| && r.value < |Get(t, "mag").value| &&
                      (forall j :: 0 <= j < |ds| ==> ds[r.value] <= ds[j]) &&
                      (forall j :: 0 <= j < r.value ==> ds[j] > ds[r.value])
  {
    var mag, rjb := Get(rup, "mag"), Get(rup, "rjb");
    var mags, rjbs := Get(t, "mag"), Get(t, "rjb");
    if mag.None? || rjb.None? then Err(KeyError)
    else if mags.None? || mags.value == [] || rjbs.None? || rjbs.value == [] then Err(ValueError)
    else
      var ds := distance(mags.value, rjbs.value, mag.value, rjb.value);
      if ds == [] then Err(ValueError)
      else
        var i := FirstMinIndex(ds);
        if i >= |mags.value| then Err(IndexError) else Ok(i)
  }

  /** `closest_row[name]`: the value of a field in row `i`. */
  function RowValue(t: Table, i: nat): (r: string -> Result<Value>) {
    (name: string) =>
      var c := Column(t, name);
      if c.Err? then Err(c.error) else if i >= |c.value| then Err(IndexError) else Ok(c.value[i])
  }

  /** One rupture with the closest row's required parameters merged in. */
  function MatchRupture(rup: Record, t: Table, req: seq<string>, distance: Distance): (r: Result<Record>) {
    var i := Closest(rup, t, distance);
    if i.Err? then Err(i.error)
    else
      var values := Gather([], req, RowValue(t, i.value));
      if values.Err? then Err(values.error) else Ok(Merge(rup, values.value))
  }

  /**
   * After the merge a required parameter holds the closest row's value and every other
   * key of the rupture is unchanged.
   */
  lemma MatchRuptureGet(rup: Record, t: Table, req: seq<string>, distance: Distance, k: string)
    requires DistinctKeys(rup)
    requires MatchRupture(rup, t, req, distance).Ok?
    ensures Closest(rup, t, distance).Ok?
    ensures var i, m := Closest(rup, t, distance).value, MatchRupture(rup, t, req, distance).value;
            k in req ==> HasKey(t, k) && i < |Get(t, k).value| && Get(m, k) == Some(Get(t, k).value[i])
    ensures k !in req ==> Get(MatchRupture(rup, t, req, distance).value, k) == Get(rup, k)
  {
    var i := Closest(rup, t, distance).value;
    var values := Gather([], req, RowValue(t, i));
    GatherGet([], req, RowValue(t, i), k);
    MergeGet(rup, values.value, k);
    HasKeyOfGet(values.value, k);
  }

  /** `k in d` exactly when `d[k]` succeeds. */
  lemma HasKeyOfGet(d: Record, k: string)
    ensures HasKey(d, k) <==> Get(d, k).Some?
  {
  }

  /** Matching one rupture, as a function of the rupture. */
  function MatchOne(t: Table, req: seq<string>, distance: Distance): (r: Record -> Result<Record>) {
    (rup: Record) => MatchRupture(rup, t, req, distance)
  }

  /**
   * `for i, x in enumerate(xs): xs[i] = g(x)`: the loop replacing each element in place,
   * here each rupture of one POE by its merge with the closest row's required parameters.
   */
  method ReplaceEach<A>(xs: seq<A>, g: A -> Result<A>) returns (r: Result<seq<A>>)
    ensures r == MapResult(xs, g)
  {
    MapResultOk(xs, g);
    var ys := xs;
    for i := 0 to |ys|
      invariant |ys| == |xs|
      invariant forall j :: 0 <= j < i ==> g(xs[j]).Ok? && ys[j] == g(xs[j]).value
      invariant forall j :: i <= j < |ys| ==> ys[j] == xs[j]
    {
      var y := g(ys[i]);
      if y.Err? {
        FirstErr(xs, g, i);
        return Err(y.error);
      }
      ys := ys[i := y.value];
    }
    assert ys == MapResult(xs, g).value;
    return Ok(ys);
  }

  /** Replacing the ruptures of one POE's entry. */
  function MatchStep(t: Table, req: seq<string>, distance: Distance): (r: PoeInput -> Result<PoeInput>) {
    (p: PoeInput) =>
      var m := MapResult(p.ruptures, MatchOne(t, req, distance));
      if m.Err? then Err(m.error) else Ok(p.(ruptures := m.value))
  }

  /** The loop over the POEs matching every rupture to the datastore. */
  method MatchRequiredParameters(inputs: Dict<real, PoeInput>, poes: seq<real>, t: Table, req: seq<string>,
                                 distance: Distance)
    returns (r: Result<Dict<real, PoeInput>>)
    ensures r == UpdateEach(inputs, poes, MatchStep(t, req, distance))
  {
    var current := inputs;
    for k := 0 to |poes|
      invariant UpdateEach(current, poes[k..], MatchStep(t, req, distance)) ==
                UpdateEach(inputs, poes, MatchStep(t, req, distance))
    {
      assert poes[k..][1..] == poes[k + 1..];
      var p := Get(current, poes[k]);
      if p.None? {
        return Err(KeyError);
      }
      var ruptures := ReplaceEach(p.value.ruptures, MatchOne(t, req, distance));
      if ruptures.Err? {
        return Err(ruptures.error);
      }
      current := Put(current, poes[k], p.value.(ruptures := ruptures.value));
    }
    return Ok(current);
  }

  /**
   * With distinct POEs, each POE's entry after matching keeps its `im-star` and holds, at
   * every position, the matched rupture of its entry before.
   */
  lemma MatchedEntry(inputs: Dict<real, PoeInput>, poes: seq<real>, t: Table, req: seq<string>,
                     distance: Distance, k: real)
    requires Distinct(poes) && k in poes
    requires UpdateEach(inputs, poes, MatchStep(t, req, distance)).Ok?
    ensures HasKey(inputs, k)
    ensures var p, q := Get(inputs, k).value, Get(UpdateEach(inputs, poes, MatchStep(t, req, distance)).value, k);
            q.Some? && q.value.imStar == p.imStar && |q.value.ruptures| == |p.ruptures| &&
            forall i :: 0 <= i < |p.ruptures| ==>
              MatchRupture(p.ruptures[i], t, req, distance).Ok? &&
              q.value.ruptures[i] == MatchRupture(p.ruptures[i], t, req, distance).value
  {
    UpdateEachGet(inputs, poes, MatchStep(t, req, distance), k);
    var p := Get(inputs, k).value;
    MapResultOk(p.ruptures, MatchOne(t, req, distance));
  }
}
